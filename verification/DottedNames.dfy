/** When the nested form has one field of each name at every level, so that dotted names find their values. */
module DottedNames {
  import opened Bytes
  import opened Bson
  import opened BsonRead
  import opened Dotted

  // ---------------------------------------------------------------- looking a dotted name up

  /** getFieldDotted. */
  function GetDotted(fs: seq<Field>, name: Name): Option<Field>
    decreases |name|
  {
    match Lookup(fs, name)
    case Some(f) => Some(f)
    case None =>
      match FindDot(name)
      case None => None
      case Some(p) =>
        match Lookup(fs, name[..p])
        case None => None
        case Some(f) => if f.value.Doc? && f.value.fields != [] then GetDotted(f.value.fields, name[p + 1..]) else None
  }

  /** A dot leads into an object and into an array, and into nothing else; a field of the whole name comes first. */
  lemma {:induction false} LeadsInto(a: Name, b: Name, v: Value, w: Value, tag: byte)
    requires 46 !in a && 46 !in b && tag in {3, 4}
    ensures GetDotted([Field(a, Doc(tag, [Field(b, v)]))], a + [46] + b) == Some(Field(b, v))
    ensures !w.Doc? ==> GetDotted([Field(a, w)], a + [46] + b) == None
    ensures GetDotted([Field(a + [46] + b, w), Field(a, Doc(tag, [Field(b, v)]))], a + [46] + b) == Some(Field(a + [46] + b, w))
  {
    var name := a + [46] + b;
    assert name[|a|] == 46;
    FirstDot(a, b);
    assert name[..|a|] == a && name[|a| + 1..] == b;
    var f, g, h := Field(a, Doc(tag, [Field(b, v)])), Field(a, w), Field(b, v);
    assert [f][1..] == [] && [g][1..] == [] && |a| < |name|;
    assert Lookup([f], name) == None && Lookup([f], a) == Some(f);
    assert Lookup([g], name) == None && Lookup([g], a) == Some(g);
    assert GetDotted([h], b) == Some(h);
  }

  predicate NotNamed(fs: seq<Field>, name: Name) {
    forall i: nat :: i < |fs| ==> fs[i].name != name
  }

  /** No two fields of a name side by side, and no dot in a name, all the way down. */
  predicate Tidy(fs: seq<Field>) {
    fs == [] || (NotNamed(fs[1..], fs[0].name) && TidyField(fs[0]) && Tidy(fs[1..]))
  }

  predicate TidyField(f: Field) {
    DOT !in f.name && (IsSub(f.value) ==> Tidy(f.value.fields))
  }

  lemma {:induction false} TidyAdd(fs: seq<Field>, f: Field)
    requires Tidy(fs) && TidyField(f) && NotNamed(fs, f.name)
    ensures Tidy(fs + [f])
  {
    if fs == [] {
      assert [f][1..] == [];
    } else {
      TidyAdd(fs[1..], f);
      assert (fs + [f])[1..] == fs[1..] + [f];
    }
  }

  lemma {:induction false} LooksUp(fs: seq<Field>, i: nat)
    requires Tidy(fs) && i < |fs|
    ensures TidyField(fs[i]) && Lookup(fs, fs[i].name) == Some(fs[i])
  {
    if i > 0 {
      LooksUp(fs[1..], i - 1);
      assert fs[1..][i - 1] == fs[i];
    }
  }

  lemma {:induction false} DotNotFound(fs: seq<Field>, name: Name)
    requires Tidy(fs) && DOT in name
    ensures Lookup(fs, name) == None
  {
    if fs != [] {
      DotNotFound(fs[1..], name);
    }
  }

  /** The field an entry of the dotted form comes from. */
  lemma {:induction false} ComesFrom(fs: seq<Field>, base: Name, e: Field) returns (i: nat)
    requires e in Dotted.Dotted(fs, base)
    ensures i < |fs| && e in DottedField(fs[i], base)
  {
    if e in DottedField(fs[0], base) {
      i := 0;
    } else {
      i := ComesFrom(fs[1..], base, e);
      i := i + 1;
    }
  }

  lemma {:induction false} EntryName(fs: seq<Field>, base: Name, e: Field)
    requires e in Dotted.Dotted(fs, base)
    ensures base <= e.name
  {
    var i := ComesFrom(fs, base, e);
    if IsSub(fs[i].value) {
      EntryName(fs[i].value.fields, base + fs[i].name + [DOT], e);
      assert base <= base + fs[i].name + [DOT];
    }
  }

  /** In a tidy document every entry of the dotted form is found under its name. */
  lemma {:induction false} Finds(fs: seq<Field>, base: Name, e: Field, rest: Name)
    requires Tidy(fs) && e in Dotted.Dotted(fs, base) && e.name == base + rest
    ensures GetDotted(fs, rest).Some? && GetDotted(fs, rest).value.value == e.value
    decreases fs
  {
    var i := ComesFrom(fs, base, e);
    var f := fs[i];
    LooksUp(fs, i);
    if IsSub(f.value) {
      var inner := base + f.name + [DOT];
      EntryName(f.value.fields, inner, e);
      var tail := e.name[|inner|..];
      assert e.name == inner + tail;
      RestIs(base, f.name, rest, tail);
      FirstDot(f.name, tail);
      DotNotFound(fs, rest);
      assert rest[..|f.name|] == f.name && rest[|f.name| + 1..] == tail;
      Finds(f.value.fields, inner, e, tail);
    } else {
      RestSame(base, f.name, rest);
    }
  }

  lemma RestIs(base: Name, name: Name, rest: Name, tail: Name)
    requires base + rest == base + name + [DOT] + tail
    ensures rest == name + [DOT] + tail && DOT in rest
  {
    assert rest == (base + rest)[|base|..];
    assert rest[|name|] == DOT;
  }

  lemma RestSame(base: Name, name: Name, rest: Name)
    requires base + rest == base + name
    ensures rest == name
  {
    assert rest == (base + rest)[|base|..];
    assert name == (base + name)[|base|..];
  }

  // ---------------------------------------------------------------- names to come

  /** None of the names still to come is `q`, or goes on from it with a dot. */
  predicate Clear(q: Name, left: seq<Field>) {
    forall i: nat :: i < |left| ==> !(q + [DOT] <= left[i].name + [DOT])
  }

  /** Each name is less than those after it, and none of those goes on from it with a dot. */
  predicate Apart(left: seq<Field>) {
    left == [] ||
    (Clear(left[0].name, left[1..]) && Before(left[0].name, left[1..]) && Apart(left[1..]))
  }

  predicate Before(last: Name, left: seq<Field>) {
    forall i: nat :: i < |left| ==> Less(last, left[i].name)
  }

  /** Of every open builder: what is in it is tidy and clear of the names to come. */
  predicate Ready(st: Levels, left: seq<Field>) {
    && Tidy(st.fields)
    && (forall i: nat :: i < |st.fields| ==> Clear(Path(st) + st.fields[i].name, left))
    && (st.Sub? ==> NotNamed(st.outer.fields, st.name) && DOT !in st.name && Ready(st.outer, left))
  }

  lemma {:induction false} ReadyLater(st: Levels, left: seq<Field>)
    requires Ready(st, left) && left != []
    ensures Ready(st, left[1..])
  {
    forall i: nat | i < |st.fields|
      ensures Clear(Path(st) + st.fields[i].name, left[1..])
    {
      ClearLater(Path(st) + st.fields[i].name, left);
    }
    if st.Sub? {
      ReadyLater(st.outer, left);
    }
  }

  lemma ClearLater(q: Name, left: seq<Field>)
    requires Clear(q, left) && left != []
    ensures Clear(q, left[1..])
  {
    assert forall i: nat :: i < |left| - 1 ==> left[1..][i] == left[i + 1];
  }

  /** One more field in a builder. */
  lemma {:induction false} AddReady(st: Levels, f: Field, left: seq<Field>)
    requires Ready(st, left) && TidyField(f) && NotNamed(st.fields, f.name) && Clear(Path(st) + f.name, left)
    ensures Ready(Add(st, f), left)
  {
    TidyAdd(st.fields, f);
    AddHolds(st, f);
  }

  /** What has a prefix in common with names on both sides of it has it too. */
  lemma {:induction false} Between(p: Name, a: Name, b: Name, c: Name)
    requires p <= a && p <= c && Less(a, b) && Less(b, c)
    ensures p <= b
  {
    if p != [] {
      Between(p[1..], a[1..], b[1..], c[1..]);
      assert p == [p[0]] + p[1..] && b == [b[0]] + b[1..];
    }
  }

  /** A builder the next name is not inside of is one no later name is inside of either. */
  lemma {:induction false} ShutClear(q: Name, last: Name, left: seq<Field>)
    requires left != [] && Apart(left) && Before(last, left) && Clear(last, left)
    requires q + [DOT] <= last + [DOT] && !(q + [DOT] <= left[0].name)
    ensures Clear(q, left)
  {
    if q != last {
      assert q + [DOT] <= last by {
        if !(q + [DOT] <= last) {
          GoesOn(q, last);
        }
      }
      ShutInside(q, last, left);
    }
  }

  lemma {:induction false} ShutInside(q: Name, last: Name, left: seq<Field>)
    requires left != [] && Apart(left) && Before(last, left)
    requires q + [DOT] <= last && !(q + [DOT] <= left[0].name)
    ensures Clear(q, left)
  {
    forall i: nat | i < |left|
      ensures !(q + [DOT] <= left[i].name + [DOT])
    {
      var g := left[i].name;
      if q + [DOT] <= g + [DOT] {
        if |q| < |g| {
          PrefixOff(q + [DOT], g);
          if i > 0 {
            assert left[1..][i - 1] == left[i];
            Between(q + [DOT], last, left[0].name, g);
          }
        } else {
          assert q == g by { LastOff(q, g); }
          assert q <= q + [DOT] && q <= last;
          PrefixNotAfter(q, last);
        }
      }
    }
  }

  lemma {:induction false} GoesOn(q: Name, g: Name)
    requires q + [DOT] <= g + [DOT] && !(q + [DOT] <= g)
    ensures q == g
  {
    if |q| < |g| {
      PrefixOff(q + [DOT], g);
      assert false;
    } else {
      LastOff(q, g);
    }
  }

  lemma PrefixOff(a: Name, b: Name)
    requires a <= b + [DOT] && |a| <= |b|
    ensures a <= b
  {
    assert (b + [DOT])[..|a|] == b[..|a|];
  }

  /** The builders open are those of the name that came last, at most, and it is apart from those to come. */
  ghost predicate Behind(st: Levels, last: Name, left: seq<Field>) {
    st.Sub? ==> Path(st) <= last + [DOT] && Before(last, left) && Clear(last, left)
  }

  lemma {:induction false} ShutReady(st: Levels, last: Name, name: Name, left: seq<Field>)
    requires Ready(st, left) && left != [] && Apart(left) && left[0].name <= name && Behind(st, last, left)
    ensures Ready(Shut(st, name), left)
    decreases Depth(st)
  {
    if st.Sub? && !(Path(st) <= name) {
      ShutClear(Path(st.outer) + st.name, last, left);
      AddReady(st.outer, Field(st.name, Doc(OBJECT, st.fields)), left);
      PopDepth(st);
      PopPath(st);
      assert Path(st.outer) <= Path(st);
      ShutReady(Pop(st), last, name, left);
    }
  }

  /** A name not yet there, once the builders around it are ready for the field. */
  lemma {:induction false} NewName(st: Levels, name: Name, left: seq<Field>)
    requires Ready(st, left) && left != [] && Path(st) + name + [DOT] <= left[0].name + [DOT]
    ensures NotNamed(st.fields, name)
  {
    forall i: nat | i < |st.fields|
      ensures st.fields[i].name != name
    {
      assert Clear(Path(st) + st.fields[i].name, left);
    }
  }

  lemma {:induction false} OpenReady(st: Levels, name: Name, whole: Name, left: seq<Field>)
    requires Ready(st, left) && left != [] && Path(st) + name == whole
    requires whole == left[0].name || whole == left[0].name + FOO
    ensures Ready(Open(st, name).0, left)
    decreases |name|
  {
    match FindDot(name)
    case None =>
    case Some(p) =>
      if p > 0 {
        SegmentFits(Path(st), name, p, whole);
        if whole != left[0].name {
          FooIsIn(Path(st) + name[..p] + [DOT], left[0].name);
        }
        NewName(st, name[..p], left);
        OpenReady(Sub(st, name[..p], []), name[p + 1..], whole, left);
      }
  }

  /** Of a whole name a segment is left that is not yet there. */
  lemma {:induction false} OpenNew(st: Levels, name: Name, left: seq<Field>)
    requires Ready(st, left) && left != [] && Path(st) + name == left[0].name && Whole(name)
    ensures Path(Open(st, name).0) + Open(st, name).1 == left[0].name
    ensures DOT !in Open(st, name).1 && NotNamed(Open(st, name).0.fields, Open(st, name).1)
    decreases |name|
  {
    match FindDot(name)
    case None => NewName(st, name, left);
    case Some(p) =>
      assert p > 0;
      SegmentFits(Path(st), name, p, left[0].name);
      NewName(st, name[..p], left);
      WholeFrom(name, p);
      OpenNew(Sub(st, name[..p], []), name[p + 1..], left);
  }

  lemma SegmentFits(base: Name, name: Name, p: nat, whole: Name)
    requires p < |name| && name[p] == DOT && base + name == whole
    ensures base + name[..p] + [DOT] <= whole <= whole + [DOT]
    ensures base + name[..p] + [DOT] + name[p + 1..] == whole
  {
    assert base + name[..p] + [DOT] + name[p + 1..] == base + name;
  }

  lemma {:induction false} WholeInside(st: Levels, name: Name)
    requires Named(st) && Path(st) <= name && Whole(name)
    ensures Whole(name[|Path(st)|..])
  {
    var n := |Path(st)|;
    var rest := name[n..];
    assert forall i :: 0 <= i < |rest| ==> rest[i] == name[n + i];
    if st.Sub? && rest != [] {
      assert name[n - 1] == Path(st)[n - 1] == DOT;
    }
  }

  lemma {:induction false} PrepareReady(st: Levels, last: Name, name: Name, left: seq<Field>)
    requires Ready(st, left) && left != [] && Apart(left) && Behind(st, last, left)
    requires name == left[0].name || name == left[0].name + FOO
    ensures Ready(Prepare(st, name).0, left)
  {
    var t := Shut(st, name);
    ShutReady(st, last, name, left);
    assert Path(t) + name[|Path(t)|..] == name;
    OpenReady(t, name[|Path(t)|..], name, left);
  }

  lemma {:induction false} PrepareNew(st: Levels, last: Name, left: seq<Field>)
    requires Named(st) && Ready(st, left) && left != [] && Apart(left) && Whole(left[0].name) && Behind(st, last, left)
    ensures var (u, segment) := Prepare(st, left[0].name);
      Path(u) + segment == left[0].name && DOT !in segment && NotNamed(u.fields, segment)
  {
    var name := left[0].name;
    var t := Shut(st, name);
    ShutReady(st, last, name, left);
    ShutHolds(st, name);
    WholeInside(t, name);
    assert Path(t) + name[|Path(t)|..] == name;
    OpenNew(t, name[|Path(t)|..], left);
  }

  lemma AddedReady(u: Levels, segment: Name, v: Value, left: seq<Field>)
    requires left != [] && Apart(left) && !IsSub(v)
    requires Ready(u, left) && Path(u) + segment == left[0].name && DOT !in segment && NotNamed(u.fields, segment)
    ensures Ready(Add(u, Field(segment, v)), left[1..])
  {
    ReadyLater(u, left);
    AddReady(u, Field(segment, v), left[1..]);
  }

  /** No sub-object but empty ones. */
  predicate SimpleField(f: Field) { !IsSub(f.value) || IsEmptySub(f.value) }

  lemma {:induction false} StepReady(st: Levels, last: Name, left: seq<Field>)
    requires Named(st) && Ready(st, left) && left != [] && Apart(left) && SimpleField(left[0]) && WholeField(left[0])
    requires Behind(st, last, left) && Step(st, left[0]).Some?
    ensures Ready(Step(st, left[0]).value, left[1..]) && Behind(Step(st, left[0]).value, left[0].name, left[1..])
  {
    var f := left[0];
    var (u, segment) := Prepare(st, Prepared(f));
    PrepareReady(st, last, Prepared(f), left);
    StepInside(st, f);
    if IsEmptySub(f.value) {
      ReadyLater(u, left);
    } else {
      PrepareNew(st, last, left);
      AddedReady(u, segment, f.value, left);
    }
  }

  lemma {:induction false} RunReady(st: Levels, last: Name, left: seq<Field>)
    requires Named(st) && Ready(st, left) && Apart(left) && All(left, SimpleField) && All(left, WholeField)
    requires Behind(st, last, left) && Run(st, left).Some?
    ensures Ready(Run(st, left).value, [])
    decreases left
  {
    if left != [] {
      RunIs(st, left);
      StepReady(st, last, left);
      StepHolds(st, left[0]);
      RunReady(Step(st, left[0]).value, left[0].name, left[1..]);
    }
  }

  lemma {:induction false} CloseTidy(st: Levels)
    requires Ready(st, [])
    ensures Tidy(Close(st))
    decreases Depth(st)
  {
    if st.Sub? {
      AddReady(st.outer, Field(st.name, Doc(OBJECT, st.fields)), []);
      PopDepth(st);
      CloseTidy(Pop(st));
    }
  }

  // ---------------------------------------------------------------- exactly when

  /** No name goes on from another with a dot. */
  predicate PrefixFree(d: seq<Field>) {
    forall i: nat, j: nat :: i < |d| && j < |d| ==> !(d[i].name + [DOT] <= d[j].name)
  }

  lemma {:induction false} Transitive(a: Name, b: Name, c: Name)
    requires Less(a, b) && Less(b, c)
    ensures Less(a, c)
  {
    if a != [] && a[0] == b[0] == c[0] {
      Transitive(a[1..], b[1..], c[1..]);
    }
  }

  lemma {:induction false} BeforeAll(fs: seq<Field>)
    requires fs != [] && Ascending(fs)
    ensures Before(fs[0].name, fs[1..])
  {
    if |fs| > 1 {
      BeforeAll(fs[1..]);
      forall i: nat | i < |fs[1..]|
        ensures Less(fs[0].name, fs[1..][i].name)
      {
        if i > 0 {
          assert fs[1..][1..][i - 1] == fs[1..][i];
          Transitive(fs[0].name, fs[1].name, fs[1..][i].name);
        }
      }
    }
  }

  lemma {:induction false} AreApart(fs: seq<Field>)
    requires Ascending(fs) && PrefixFree(fs)
    ensures Apart(fs)
  {
    if fs != [] {
      var rest := fs[1..];
      assert forall i: nat :: i < |rest| ==> rest[i] == fs[i + 1];
      BeforeAll(fs);
      forall i: nat | i < |rest|
        ensures !(fs[0].name + [DOT] <= rest[i].name + [DOT])
      {
        Compared(fs[0].name, rest[i].name);
        if fs[0].name + [DOT] <= rest[i].name + [DOT] {
          GoesOn(fs[0].name, rest[i].name);
        }
      }
      AreApart(rest);
    }
  }

  lemma {:induction false} AllAt(fs: seq<Field>, p: Field -> bool, i: nat)
    requires All(fs, p) && i < |fs|
    ensures p(fs[i])
  {
    if i > 0 {
      AllAt(fs[1..], p, i - 1);
    }
  }

  lemma {:induction false} AllIf(fs: seq<Field>, p: Field -> bool)
    requires forall f :: f in fs ==> p(f)
    ensures All(fs, p)
  {
    if fs != [] {
      AllIf(fs[1..], p);
    }
  }

  /** Names of the map are names of the document. */
  lemma {:induction false} SortedFrom(d: seq<Field>, i: nat) returns (j: nat)
    requires i < |Sorted(d)|
    ensures j < |d| && d[j].name == Sorted(d)[i].name
  {
    var names := set f | f in d :: f.name;
    var p := (f: Field) => f.name in names;
    AllIf(d, p);
    SortedAll([], d, p);
    AllAt(Sorted(d), p, i);
    j :| j < |d| && d[j].name == Sorted(d)[i].name;
  }

  lemma {:induction false} SortedFree(d: seq<Field>)
    requires PrefixFree(d)
    ensures PrefixFree(Sorted(d))
  {
    forall i: nat, j: nat | i < |Sorted(d)| && j < |Sorted(d)|
      ensures !(Sorted(d)[i].name + [DOT] <= Sorted(d)[j].name)
    {
      var k := SortedFrom(d, i);
      var l := SortedFrom(d, j);
      assert !(d[k].name + [DOT] <= d[l].name);
    }
  }

  lemma {:induction false} Found(fs: seq<Field>, name: Name)
    requires Lookup(fs, name).Some?
    ensures Lookup(fs, name).value in fs && Lookup(fs, name).value.name == name
  {
    if fs[0].name != name {
      Found(fs[1..], name);
    }
  }

  lemma {:induction false} LatestIs(d: seq<Field>, j: nat)
    requires j < |d|
    ensures Latest(d, d[j].name).Some?
  {
    if j > 0 {
      LatestIs(d[1..], j - 1);
    }
  }

  /** Two names without dots before the same first dot. */
  lemma {:induction false} SameSegment(base: Name, a: Name, b: Name, whole: Name)
    requires DOT !in a && DOT !in b && base + a + [DOT] <= whole && base + b + [DOT] <= whole
    ensures a == b
  {
    var s := whole[|base|..];
    Segmented(base, a, whole);
    Segmented(base, b, whole);
  }

  lemma {:induction false} Segmented(base: Name, a: Name, whole: Name)
    requires DOT !in a && base + a + [DOT] <= whole
    ensures base <= whole && FindDot(whole[|base|..]) == Some(|a|) && whole[|base|..][..|a|] == a
  {
    var head := base + a + [DOT];
    var tail := whole[|head|..];
    assert whole == head + tail;
    assert whole[|base|..] == a + [DOT] + tail;
    FirstDot(a, tail);
  }

  /** The dotted form of a tidy document has prefix-free names. */
  lemma {:induction false} TidyFree(fs: seq<Field>, base: Name, e: Field, g: Field)
    requires Tidy(fs) && e in Dotted.Dotted(fs, base) && g in Dotted.Dotted(fs, base)
    ensures !(e.name + [DOT] <= g.name)
    decreases fs
  {
    if e.name + [DOT] <= g.name {
      var i := ComesFrom(fs, base, e);
      var j := ComesFrom(fs, base, g);
      var x, y := fs[i], fs[j];
      LooksUp(fs, i);
      LooksUp(fs, j);
      if IsSub(x.value) {
        EntryName(x.value.fields, base + x.name + [DOT], e);
        assert e.name <= g.name;
      }
      assert base + x.name + [DOT] <= g.name;
      if IsSub(y.value) {
        EntryName(y.value.fields, base + y.name + [DOT], g);
        SameSegment(base, x.name, y.name, g.name);
        TidyFree(x.value.fields, base + x.name + [DOT], e, g);
      } else {
        DotInside(base, x.name, y.name);
      }
    }
  }

  lemma DotInside(base: Name, a: Name, b: Name)
    requires base + a + [DOT] <= base + b
    ensures DOT in b
  {
    assert b[|a|] == (base + b)[|base| + |a|] == (base + a + [DOT])[|base| + |a|] == DOT;
  }

  /**
   For documents without sub-objects whose names are whole: each sub-object is opened once and no name
   is given twice at any level exactly when no name goes on from another with a dot.
   */
  lemma {:induction false} TidyIff(d: seq<Field>)
    requires All(d, FlatField) && All(d, WholeField)
    ensures Nested(d).Some?
    ensures Tidy(Nested(d).value) <==> PrefixFree(d)
  {
    RoundTripIff(d);
    if PrefixFree(d) {
      AllSimple(d);
      IsTidy(d);
    } else {
      var i: nat, j: nat :| i < |d| && j < |d| && d[i].name + [DOT] <= d[j].name;
      var e, g := InSorted(d, i), InSorted(d, j);
      SortedAll([], d, WholeField);
      if Tidy(Nested(d).value) {
        TidyFree(Nested(d).value, [], e, g);
      }
    }
  }

  lemma {:induction false} AllSimple(fs: seq<Field>)
    requires All(fs, FlatField)
    ensures All(fs, SimpleField)
  {
    if fs != [] {
      AllSimple(fs[1..]);
    }
  }

  /** Empty objects among the values change nothing about that. */
  lemma {:induction false} IsTidy(d: seq<Field>)
    requires All(d, SimpleField) && All(d, WholeField) && PrefixFree(d)
    ensures Nested(d).Some? && Tidy(Nested(d).value)
  {
    NestedDotted(d);
    Sorts(d, []);
    SortedFree(d);
    AreApart(Sorted(d));
    SortedAll([], d, SimpleField);
    SortedAll([], d, WholeField);
    RunReady(Root([]), [], Sorted(d));
    CloseTidy(Run(Root([]), Sorted(d)).value);
  }

  ghost function InSorted(d: seq<Field>, i: nat): (e: Field)
    requires i < |d|
    ensures e in Sorted(d) && e.name == d[i].name && Latest(d, d[i].name) == Some(e)
  {
    LatestIs(d, i);
    Sorts(d, d[i].name);
    Found(Sorted(d), d[i].name);
    Lookup(Sorted(d), d[i].name).value
  }

  /** And then every dotted name of the document finds its value, the last of that name, in the nested form. */
  lemma {:induction false} FindsAll(d: seq<Field>, i: nat)
    requires All(d, FlatField) && All(d, WholeField) && PrefixFree(d) && i < |d|
    ensures Nested(d).Some? && GetDotted(Nested(d).value, d[i].name).Some? && Latest(d, d[i].name).Some?
    ensures GetDotted(Nested(d).value, d[i].name).value.value == Latest(d, d[i].name).value.value
  {
    RoundTripIff(d);
    AllSimple(d);
    IsTidy(d);
    var e := InSorted(d, i);
    assert [] + e.name == e.name;
    Finds(Nested(d).value, [], e, e.name);
  }
}
