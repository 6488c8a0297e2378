/**
 Documents whose names have dots, and nested documents: nested2dotted, dotted2nested and the stack of
 open builders between them.
 */
module Dotted {
  import opened Bytes
  import opened Bson
  import opened BsonRead
  import opened WoCompare

  type Name = seq<byte>

  // ---------------------------------------------------------------- names

  function FindDot(s: Name): (p: Option<nat>)
    ensures match p case None => DOT !in s case Some(k) => k < |s| && s[k] == DOT && DOT !in s[..k]
  {
    if s == [] then None
    else if s[0] == DOT then Some(0)
    else match FindDot(s[1..]) case None => None case Some(k) => Some(k + 1)
  }

  /** What is left of a name on its way in and out again: its first empty segment is lost, with one dot. */
  function Squeezed(s: Name): Name {
    match FindDot(s)
    case None => s
    case Some(p) => if p == 0 then s[1..] else s[..p + 1] + Squeezed(s[p + 1..])
  }

  /** No leading dot and no two dots in a row. */
  predicate Whole(s: Name) {
    && (s == [] || s[0] != DOT)
    && (forall i :: 0 <= i < |s| - 1 && s[i] == DOT ==> s[i + 1] != DOT)
  }

  lemma {:induction false} WholeFrom(s: Name, p: nat)
    requires FindDot(s) == Some(p) && 0 < p
    ensures Whole(s) <==> Whole(s[p + 1..])
  {
    var t := s[p + 1..];
    assert forall i :: 0 <= i < p ==> s[i] != DOT by {
      assert forall i :: 0 <= i < p ==> s[i] == s[..p][i];
    }
    if Whole(t) {
      forall i | 0 <= i < |s| - 1 && s[i] == DOT
        ensures s[i + 1] != DOT
      {
        assert i > p ==> t[i - p - 1] == DOT && t[i - p] == s[i + 1];
        assert i == p ==> t[0] == s[p + 1];
      }
    }
    if Whole(s) {
      assert forall i :: 0 <= i < |t| ==> t[i] == s[p + 1 + i];
    }
  }

  /** A name comes back as it was exactly when it is whole. */
  lemma {:induction false} SqueezedIff(s: Name)
    ensures |Squeezed(s)| <= |s|
    ensures Squeezed(s) == s <==> Whole(s)
  {
    match FindDot(s)
    case None =>
    case Some(p) =>
      if p > 0 {
        WholeFrom(s, p);
        SqueezedIff(s[p + 1..]);
        assert s == s[..p + 1] + s[p + 1..];
      }
  }

  // ---------------------------------------------------------------- nested to dotted

  predicate IsSub(v: Value) { v.Doc? && v.tag == OBJECT }

  /** What nested2dotted appends. */
  function Dotted(fs: seq<Field>, base: Name): seq<Field> {
    if fs == [] then []
    else DottedField(fs[0], base) + Dotted(fs[1..], base)
  }

  function DottedField(f: Field, base: Name): seq<Field> {
    if IsSub(f.value) then Dotted(f.value.fields, base + f.name + [DOT])
    else [Field(base + f.name, f.value)]
  }

  lemma {:induction false} DottedAppend(a: seq<Field>, f: Field, base: Name)
    ensures Dotted(a + [f], base) == Dotted(a, base) + DottedField(f, base)
  {
    if a == [] {
      assert [f][1..] == [];
    } else {
      DottedAppend(a[1..], f, base);
      assert (a + [f])[1..] == a[1..] + [f];
    }
  }

  /** Only the whole name matters. */
  lemma DottedWhole(base: Name, name: Name, whole: Name, v: Value)
    requires base + name == whole
    ensures DottedField(Field(name, v), base) == DottedField(Field(whole, v), [])
  {
    assert [] + whole == whole;
    assert base + name + [DOT] == [] + whole + [DOT];
  }

  // ---------------------------------------------------------------- the builders that are open

  /** The root builder, and inside each builder the one opened last. */
  datatype Levels =
    | Root(fields: seq<Field>)
    | Sub(outer: Levels, name: Name, fields: seq<Field>)

  function Add(st: Levels, f: Field): Levels { st.(fields := st.fields + [f]) }

  /** popBuilder: what was built becomes a field of the builder outside. */
  function Pop(st: Levels): Levels
    requires st.Sub?
    ensures Pop(st).Root? == st.outer.Root? && (st.outer.Sub? ==> Pop(st).outer == st.outer.outer)
  {
    Add(st.outer, Field(st.name, Doc(OBJECT, st.fields)))
  }

  function Depth(st: Levels): nat {
    match st case Root(_) => 0 case Sub(outer, _, _) => 1 + Depth(outer)
  }

  lemma PopDepth(st: Levels)
    requires st.Sub?
    ensures Depth(Pop(st)) == Depth(st) - 1
  {
  }

  /** The names of the open builders, each with its dot. */
  function Path(st: Levels): Name {
    match st case Root(_) => [] case Sub(outer, name, _) => Path(outer) + name + [DOT]
  }

  lemma PopPath(st: Levels)
    requires st.Sub?
    ensures Path(Pop(st)) == Path(st.outer)
  {
  }

  /** Close all builders but those the name is inside of. */
  function Shut(st: Levels, name: Name): (t: Levels)
    ensures Path(t) <= name
    decreases Depth(st)
  {
    if st.Root? || Path(st) <= name then st
    else
      PopDepth(st);
      Shut(Pop(st), name)
  }

  /** Open builders for the segments of a name, as far as the first empty one, which is dropped. */
  function Open(st: Levels, name: Name): (Levels, Name)
    decreases |name|
  {
    match FindDot(name)
    case None => (st, name)
    case Some(p) => if p == 0 then (st, name[1..]) else Open(Sub(st, name[..p], []), name[p + 1..])
  }

  /** The prefix of a builder compares equal, but the name ends there: substr throws. */
  predicate Throws(st: Levels, name: Name) {
    st.Sub? && (Path(st) == name + [DOT] || Throws(st.outer, name))
  }

  /** prepareContext: the builders the name asks for, and its last segment. */
  function Prepare(st: Levels, name: Name): (Levels, Name) {
    var t := Shut(st, name);
    Open(t, name[|Path(t)|..])
  }

  const FOO: Name := [46, 102, 111, 111]   // ".foo"

  predicate IsEmptySub(v: Value) { v == Doc(OBJECT, []) }

  /** The name appendAs prepares: an empty object is only opened. */
  function Prepared(f: Field): Name { if IsEmptySub(f.value) then f.name + FOO else f.name }

  /** EmbeddedBuilder::appendAs; None is the exception. */
  function Step(st: Levels, f: Field): Option<Levels> {
    if Throws(st, Prepared(f)) then None
    else
      var (t, last) := Prepare(st, Prepared(f));
      Some(if IsEmptySub(f.value) then t else Add(t, Field(last, f.value)))
  }

  function Run(st: Levels, fs: seq<Field>): Option<Levels>
    decreases fs
  {
    if fs == [] then Some(st)
    else match Step(st, fs[0]) case None => None case Some(t) => Run(t, fs[1..])
  }

  /** done(): the builders are closed one by one. */
  function Close(st: Levels): seq<Field>
    decreases Depth(st)
  {
    if st.Root? then st.fields
    else
      PopDepth(st);
      Close(Pop(st))
  }

  // ---------------------------------------------------------------- what the builders hold, dotted

  /** Names of builders have no dot, and none is empty. */
  predicate Named(st: Levels) {
    st.Sub? ==> st.name != [] && DOT !in st.name && Named(st.outer)
  }

  /** All that was appended so far. */
  function Held(st: Levels): seq<Field> {
    match st
    case Root(fields) => Dotted(fields, [])
    case Sub(outer, _, fields) => Held(outer) + Dotted(fields, Path(st))
  }

  lemma AddHolds(st: Levels, f: Field)
    ensures Held(Add(st, f)) == Held(st) + DottedField(f, Path(st))
    ensures Path(Add(st, f)) == Path(st) && (Named(st) ==> Named(Add(st, f)))
  {
    DottedAppend(st.fields, f, Path(st));
  }

  lemma PopHolds(st: Levels)
    requires st.Sub?
    ensures Held(Pop(st)) == Held(st) && (Named(st) ==> Named(Pop(st)))
  {
    AddHolds(st.outer, Field(st.name, Doc(OBJECT, st.fields)));
  }

  lemma {:induction false} ShutHolds(st: Levels, name: Name)
    ensures Held(Shut(st, name)) == Held(st)
    ensures Named(st) ==> Named(Shut(st, name))
    decreases Depth(st)
  {
    if st.Sub? && !(Path(st) <= name) {
      PopHolds(st);
      PopDepth(st);
      ShutHolds(Pop(st), name);
    }
  }

  lemma {:induction false} CloseHolds(st: Levels)
    ensures Dotted(Close(st), []) == Held(st)
    decreases Depth(st)
  {
    if st.Sub? {
      PopHolds(st);
      PopDepth(st);
      CloseHolds(Pop(st));
    }
  }

  lemma {:induction false} OpenHolds(st: Levels, name: Name)
    requires Named(st)
    ensures Named(Open(st, name).0)
    ensures Held(Open(st, name).0) == Held(st)
    ensures Path(Open(st, name).0) + Open(st, name).1 == Path(st) + Squeezed(name)
    decreases |name|
  {
    match FindDot(name)
    case None =>
    case Some(p) =>
      if p > 0 {
        SegmentHolds(st, name[..p]);
        OpenHolds(Sub(st, name[..p], []), name[p + 1..]);
        SegmentIs(Path(st), name, p, Squeezed(name[p + 1..]));
      }
  }

  lemma SegmentHolds(st: Levels, segment: Name)
    ensures Held(Sub(st, segment, [])) == Held(st)
  {
  }

  lemma SegmentIs(base: Name, name: Name, p: nat, left: Name)
    requires p < |name| && name[p] == DOT
    ensures base + name[..p] + [DOT] + left == base + (name[..p + 1] + left)
  {
    assert name[..p + 1] == name[..p] + [DOT];
  }

  lemma {:induction false} FirstDot(a: Name, b: Name)
    requires DOT !in a
    ensures FindDot(a + [DOT] + b) == Some(|a|)
  {
    var s := a + [DOT] + b;
    if a != [] {
      FirstDot(a[1..], b);
      assert s[1..] == a[1..] + [DOT] + b;
      assert s[0] == a[0] && a[0] in a;
    }
  }

  lemma {:induction false} SqueezedAfter(name: Name, rest: Name)
    requires DOT !in name && name != []
    ensures Squeezed(name + [DOT] + rest) == name + [DOT] + Squeezed(rest)
  {
    var s := name + [DOT] + rest;
    FirstDot(name, rest);
    assert s[..|name| + 1] == name + [DOT] && s[|name| + 1..] == rest;
  }

  /** Squeezing starts after the open builders. */
  lemma {:induction false} SqueezedInside(st: Levels, rest: Name)
    requires Named(st)
    ensures Squeezed(Path(st) + rest) == Path(st) + Squeezed(rest)
  {
    match st
    case Root(_) => assert [] + rest == rest && [] + Squeezed(rest) == Squeezed(rest);
    case Sub(outer, name, _) =>
      SqueezedAfter(name, rest);
      SqueezedInside(outer, name + [DOT] + rest);
      InsideIs(Path(outer), name, rest, Squeezed(rest));
  }

  lemma InsideIs(base: Name, name: Name, rest: Name, left: Name)
    ensures base + name + [DOT] + rest == base + (name + [DOT] + rest)
    ensures base + name + [DOT] + left == base + (name + [DOT] + left)
  {
  }

  lemma {:induction false} InsideHolds(t: Levels, name: Name)
    requires Named(t) && Path(t) <= name
    ensures var (u, last) := Open(t, name[|Path(t)|..]);
      Named(u) && Held(u) == Held(t) && Path(u) + last == Squeezed(name)
  {
    var rest := name[|Path(t)|..];
    OpenHolds(t, rest);
    SqueezedInside(t, rest);
    assert Path(t) + rest == name;
  }

  lemma {:induction false} PrepareHolds(st: Levels, name: Name)
    requires Named(st)
    ensures Named(Prepare(st, name).0)
    ensures Held(Prepare(st, name).0) == Held(st)
    ensures Path(Prepare(st, name).0) + Prepare(st, name).1 == Squeezed(name)
  {
    ShutHolds(st, name);
    InsideHolds(Shut(st, name), name);
  }

  /** What a field contributes in the end. */
  function Share(f: Field): seq<Field> { DottedField(Field(Squeezed(f.name), f.value), []) }

  lemma EmptyShare(f: Field)
    requires IsEmptySub(f.value)
    ensures Share(f) == []
  {
    assert Dotted(f.value.fields, [] + Squeezed(f.name) + [DOT]) == [];
  }

  lemma {:induction false} StepHolds(st: Levels, f: Field)
    requires Named(st) && Step(st, f).Some?
    ensures Named(Step(st, f).value)
    ensures Held(Step(st, f).value) == Held(st) + Share(f)
  {
    PrepareHolds(st, Prepared(f));
    if IsEmptySub(f.value) {
      EmptyShare(f);
    } else {
      var (t, last) := Prepare(st, f.name);
      AddHolds(t, Field(last, f.value));
      DottedWhole(Path(t), last, Squeezed(f.name), f.value);
    }
  }

  function Shares(fs: seq<Field>): seq<Field> {
    if fs == [] then [] else Share(fs[0]) + Shares(fs[1..])
  }

  lemma Associates<T>(a: seq<T>, b: seq<T>, c: seq<T>)
    ensures a + b + c == a + (b + c)
  {
  }

  lemma {:induction false} RunIs(st: Levels, fs: seq<Field>)
    requires fs != [] && Run(st, fs).Some?
    ensures Step(st, fs[0]).Some? && Run(st, fs) == Run(Step(st, fs[0]).value, fs[1..])
  {
  }

  lemma {:induction false} RunHolds(st: Levels, fs: seq<Field>)
    requires Named(st) && Run(st, fs).Some?
    ensures Named(Run(st, fs).value)
    ensures Held(Run(st, fs).value) == Held(st) + Shares(fs)
    decreases fs
  {
    if fs != [] {
      RunIs(st, fs);
      StepHolds(st, fs[0]);
      var t := Step(st, fs[0]).value;
      RunHolds(t, fs[1..]);
      Associates(Held(st), Share(fs[0]), Shares(fs[1..]));
    } else {
      assert Held(st) + [] == Held(st);
    }
  }

  // ---------------------------------------------------------------- sorted names

  /** The order of std::map over std::string. */
  predicate Less(a: Name, b: Name) { CmpBytes(a, b) < 0 }

  predicate Ascending(fs: seq<Field>) {
    |fs| > 1 ==> Less(fs[0].name, fs[1].name) && Ascending(fs[1..])
  }

  /** Assignment to an entry of the map. */
  function Assign(m: seq<Field>, f: Field): (r: seq<Field>)
    ensures r != []
  {
    if m == [] then [f]
    else if m[0].name == f.name then [f] + m[1..]
    else if Less(f.name, m[0].name) then [f] + m
    else [m[0]] + Assign(m[1..], f)
  }

  function AssignAll(m: seq<Field>, fs: seq<Field>): seq<Field>
    decreases fs
  {
    if fs == [] then m else AssignAll(Assign(m, fs[0]), fs[1..])
  }

  /** bson2map: the fields by name, the last of each name. */
  function Sorted(fs: seq<Field>): seq<Field> { AssignAll([], fs) }

  function Latest(fs: seq<Field>, name: Name): Option<Field> {
    if fs == [] then None
    else match Latest(fs[1..], name)
      case Some(f) => Some(f)
      case None => if fs[0].name == name then Some(fs[0]) else None
  }

  lemma {:induction false} Compared(a: Name, b: Name)
    ensures CmpBytes(a, b) == -CmpBytes(b, a)
    ensures CmpBytes(a, b) == 0 <==> a == b
  {
    if a != [] && b != [] {
      Compared(a[1..], b[1..]);
      assert a == [a[0]] + a[1..] && b == [b[0]] + b[1..];
    }
  }

  lemma {:induction false} AssignKeeps(m: seq<Field>, f: Field)
    requires Ascending(m)
    ensures Ascending(Assign(m, f))
    ensures Assign(m, f)[0].name == f.name || (m != [] && Assign(m, f)[0].name == m[0].name)
  {
    if m == [] {
    } else if m[0].name == f.name {
      assert ([f] + m[1..])[1..] == m[1..];
    } else if Less(f.name, m[0].name) {
      assert ([f] + m)[1..] == m;
    } else {
      AssignKeeps(m[1..], f);
      Compared(f.name, m[0].name);
      assert ([m[0]] + Assign(m[1..], f))[1..] == Assign(m[1..], f);
    }
  }

  lemma {:induction false} AssignLooksUp(m: seq<Field>, f: Field, name: Name)
    ensures Lookup(Assign(m, f), name) == if f.name == name then Some(f) else Lookup(m, name)
  {
    if m == [] {
      assert [f][1..] == [];
    } else if m[0].name == f.name {
      assert ([f] + m[1..])[1..] == m[1..];
    } else if Less(f.name, m[0].name) {
      assert ([f] + m)[1..] == m;
    } else {
      AssignLooksUp(m[1..], f, name);
      assert ([m[0]] + Assign(m[1..], f))[1..] == Assign(m[1..], f);
    }
  }

  lemma {:induction false} AssignAllSorts(m: seq<Field>, fs: seq<Field>, name: Name)
    requires Ascending(m)
    ensures Ascending(AssignAll(m, fs))
    ensures Lookup(AssignAll(m, fs), name) == match Latest(fs, name) case Some(f) => Some(f) case None => Lookup(m, name)
    decreases fs
  {
    if fs != [] {
      AssignKeeps(m, fs[0]);
      AssignLooksUp(m, fs[0], name);
      AssignAllSorts(Assign(m, fs[0]), fs[1..], name);
    }
  }

  /** The map is in order and holds the last field of each name. */
  lemma {:induction false} Sorts(fs: seq<Field>, name: Name)
    ensures Ascending(Sorted(fs))
    ensures Lookup(Sorted(fs), name) == Latest(fs, name)
  {
    AssignAllSorts([], fs, name);
  }

  /** A property of fields that the order and the values dropped do not matter to. */
  predicate All(fs: seq<Field>, p: Field -> bool) {
    fs == [] || (p(fs[0]) && All(fs[1..], p))
  }

  lemma {:induction false} AssignAllOf(m: seq<Field>, f: Field, p: Field -> bool)
    requires All(m, p) && p(f)
    ensures All(Assign(m, f), p)
  {
    if m == [] {
      assert [f][1..] == [];
    } else if m[0].name == f.name {
      assert ([f] + m[1..])[1..] == m[1..];
    } else if Less(f.name, m[0].name) {
      assert ([f] + m)[1..] == m;
    } else {
      AssignAllOf(m[1..], f, p);
      assert ([m[0]] + Assign(m[1..], f))[1..] == Assign(m[1..], f);
    }
  }

  lemma {:induction false} SortedAll(m: seq<Field>, fs: seq<Field>, p: Field -> bool)
    requires All(m, p) && All(fs, p)
    ensures All(AssignAll(m, fs), p)
    decreases fs
  {
    if fs != [] {
      AssignAllOf(m, fs[0], p);
      SortedAll(Assign(m, fs[0]), fs[1..], p);
    }
  }

  // ---------------------------------------------------------------- no exception in sorted order

  lemma {:induction false} PrefixNotAfter(a: Name, b: Name)
    requires a <= b
    ensures !Less(b, a)
  {
    if a != [] {
      PrefixNotAfter(a[1..], b[1..]);
    }
  }

  lemma {:induction false} LessThanLonger(a: Name, b: Name, c: Name)
    requires Less(a, b)
    ensures Less(a, b + c)
  {
    if a != [] {
      assert (b + c)[1..] == b[1..] + c;
      if a[0] == b[0] {
        LessThanLonger(a[1..], b[1..], c);
      }
    }
  }

  lemma {:induction false} NotThrown(st: Levels, last: Name, name: Name)
    requires Path(st) <= last + [DOT] && Less(last, name)
    ensures !Throws(st, name)
  {
    if st.Sub? {
      NotThrown(st.outer, last, name);
      if Path(st) == name + [DOT] {
        LastOff(name, last);
        PrefixNotAfter(name, last);
      }
    }
  }

  lemma LastOff(a: Name, b: Name)
    requires a + [DOT] <= b + [DOT]
    ensures a <= b
  {
    assert forall i :: 0 <= i < |a| ==> a[i] == (a + [DOT])[i] == (b + [DOT])[i] == b[i];
  }

  lemma NameIs(base: Name, name: Name, p: nat)
    requires p < |name| && name[p] == DOT
    ensures base + name[..p] + [DOT] + name[p + 1..] == base + name
  {
  }

  lemma {:induction false} OpenPath(st: Levels, name: Name)
    ensures Path(Open(st, name).0) <= Path(st) + name
    decreases |name|
  {
    match FindDot(name)
    case None =>
    case Some(p) =>
      if p > 0 {
        OpenPath(Sub(st, name[..p], []), name[p + 1..]);
        NameIs(Path(st), name, p);
      }
  }

  lemma {:induction false} PreparePath(st: Levels, name: Name)
    ensures Path(Prepare(st, name).0) <= name
  {
    var t := Shut(st, name);
    OpenPath(t, name[|Path(t)|..]);
    assert Path(t) + name[|Path(t)|..] == name;
  }

  lemma FooIsIn(path: Name, name: Name)
    requires path <= name + FOO && (path != [] ==> path[|path| - 1] == DOT)
    ensures path <= name + [DOT]
  {
    var whole := name + FOO;
    assert forall i :: |name| < i < |whole| ==> whole[i] == FOO[i - |name|] != DOT;
  }

  /** The builders open after a step are those of the name, at most. */
  lemma {:induction false} StepInside(st: Levels, f: Field)
    requires Step(st, f).Some?
    ensures Path(Step(st, f).value) <= f.name + [DOT]
  {
    var t := Prepare(st, Prepared(f)).0;
    PreparePath(st, Prepared(f));
    if IsEmptySub(f.value) {
      FooIsIn(Path(t), f.name);
    } else {
      AddHolds(t, Field(Prepare(st, f.name).1, f.value));
    }
  }

  lemma {:induction false} StepFine(st: Levels, last: Name, f: Field)
    requires Path(st) <= last + [DOT] && Less(last, f.name)
    ensures Step(st, f).Some?
  {
    LessThanLonger(last, f.name, FOO);
    NotThrown(st, last, Prepared(f));
  }

  lemma {:induction false} RunFine(st: Levels, last: Name, fs: seq<Field>)
    requires Ascending(fs)
    requires st.Root? || (Path(st) <= last + [DOT] && (fs != [] ==> Less(last, fs[0].name)))
    ensures Run(st, fs).Some?
    decreases fs
  {
    if fs != [] {
      if st.Sub? {
        StepFine(st, last, fs[0]);
      }
      StepInside(st, fs[0]);
      RunFine(Step(st, fs[0]).value, fs[0].name, fs[1..]);
    }
  }

  // ---------------------------------------------------------------- out again

  /** dotted2nested; None is the exception. */
  function Nested(d: seq<Field>): Option<seq<Field>> {
    match Run(Root([]), Sorted(d)) case None => None case Some(st) => Some(Close(st))
  }

  /** For every document: no exception, and back comes each field in the order of the names, its name squeezed. */
  lemma {:induction false} NestedDotted(d: seq<Field>)
    ensures Nested(d).Some?
    ensures Dotted(Nested(d).value, []) == Shares(Sorted(d))
  {
    Sorts(d, []);
    RunFine(Root([]), [], Sorted(d));
    RunHolds(Root([]), Sorted(d));
    CloseHolds(Run(Root([]), Sorted(d)).value);
    assert [] + Shares(Sorted(d)) == Shares(Sorted(d));
  }

  predicate FlatField(f: Field) { !IsSub(f.value) }

  predicate WholeField(f: Field) { Whole(f.name) }

  lemma {:induction false} SharesIff(fs: seq<Field>)
    requires All(fs, FlatField)
    ensures |Shares(fs)| == |fs|
    ensures Shares(fs) == fs <==> All(fs, WholeField)
  {
    if fs != [] {
      SharesIff(fs[1..]);
      SqueezedIff(fs[0].name);
      assert Share(fs[0]) == [Field(Squeezed(fs[0].name), fs[0].value)] by {
        assert [] + Squeezed(fs[0].name) == Squeezed(fs[0].name);
      }
      assert fs == [fs[0]] + fs[1..] && Shares(fs)[1..] == Shares(fs[1..]);
    }
  }

  lemma {:induction false} AssignWhole(m: seq<Field>, f: Field)
    requires All(Assign(m, f), WholeField)
    ensures All(m, WholeField) && WholeField(f)
  {
    if m == [] {
    } else if m[0].name == f.name {
      assert ([f] + m[1..])[1..] == m[1..];
    } else if Less(f.name, m[0].name) {
      assert ([f] + m)[1..] == m;
    } else {
      assert ([m[0]] + Assign(m[1..], f))[1..] == Assign(m[1..], f);
      AssignWhole(m[1..], f);
    }
  }

  lemma {:induction false} SortedWhole(m: seq<Field>, fs: seq<Field>)
    requires All(AssignAll(m, fs), WholeField)
    ensures All(m, WholeField) && All(fs, WholeField)
    decreases fs
  {
    if fs != [] {
      SortedWhole(Assign(m, fs[0]), fs[1..]);
      AssignWhole(m, fs[0]);
    }
  }

  /** A document without sub-objects comes back as its sorted self exactly when all its names are whole. */
  lemma {:induction false} RoundTripIff(d: seq<Field>)
    requires All(d, FlatField)
    ensures Nested(d).Some?
    ensures Dotted(Nested(d).value, []) == Sorted(d) <==> All(d, WholeField)
  {
    NestedDotted(d);
    SortedAll([], d, FlatField);
    SharesIff(Sorted(d));
    if All(d, WholeField) {
      SortedAll([], d, WholeField);
    } else if All(Sorted(d), WholeField) {
      SortedWhole([], d);
    }
  }
}
