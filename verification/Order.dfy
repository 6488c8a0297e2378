/** The order on keys that the document order comes down to: integers and lists, compared lexicographically. */
module Order {
  import opened Bytes

  datatype Key = I(n: int) | L(ks: seq<Key>)

  function Sign(x: int): int {
    if x < 0 then -1 else if x > 0 then 1 else 0
  }

  function Cmp(a: Key, b: Key): (c: int)
    ensures -1 <= c <= 1
    decreases a
  {
    match (a, b)
    case (I(m), I(n)) => Sign(m - n)
    case (I(_), L(_)) => -1
    case (L(_), I(_)) => 1
    case (L(x), L(y)) => CmpList(x, y)
  }

  /** The first difference decides; a proper prefix comes first. */
  function CmpList(a: seq<Key>, b: seq<Key>): (c: int)
    ensures -1 <= c <= 1
    decreases a
  {
    if a == [] || b == [] then Sign(|a| - |b|)
    else if Cmp(a[0], b[0]) != 0 then Cmp(a[0], b[0])
    else CmpList(a[1..], b[1..])
  }

  lemma {:induction false} Mirror(a: Key, b: Key)
    ensures Cmp(b, a) == -Cmp(a, b) && (Cmp(a, b) == 0 <==> a == b)
    decreases a
  {
    if a.L? && b.L? {
      MirrorList(a.ks, b.ks);
    }
  }

  lemma {:induction false} MirrorList(a: seq<Key>, b: seq<Key>)
    ensures CmpList(b, a) == -CmpList(a, b) && (CmpList(a, b) == 0 <==> a == b)
    decreases a
  {
    if a != [] && b != [] {
      Mirror(a[0], b[0]);
      MirrorList(a[1..], b[1..]);
      assert a == [a[0]] + a[1..] && b == [b[0]] + b[1..];
    }
  }

  lemma {:induction false} Transitive(a: Key, b: Key, c: Key)
    requires Cmp(a, b) <= 0 && Cmp(b, c) <= 0
    ensures Cmp(a, c) <= 0
    decreases a
  {
    if a.L? && b.L? && c.L? {
      TransitiveList(a.ks, b.ks, c.ks);
    }
  }

  lemma {:induction false} TransitiveList(a: seq<Key>, b: seq<Key>, c: seq<Key>)
    requires CmpList(a, b) <= 0 && CmpList(b, c) <= 0
    ensures CmpList(a, c) <= 0
    decreases a
  {
    if a != [] && b != [] && c != [] {
      Mirror(a[0], b[0]);
      Mirror(b[0], c[0]);
      Mirror(a[0], c[0]);
      Transitive(a[0], b[0], c[0]);
      if a[0] == b[0] == c[0] {
        TransitiveList(a[1..], b[1..], c[1..]);
      }
    }
  }

  lemma {:induction false} Pairs(a: Key, b: Key, c: Key, d: Key)
    ensures Cmp(L([a, b]), L([c, d])) == if Cmp(a, c) != 0 then Cmp(a, c) else Cmp(b, d)
  {
    assert CmpList([b], [d]) == Cmp(b, d) by { assert [b][1..] == [] && [d][1..] == []; }
    assert [a, b][1..] == [b] && [c, d][1..] == [d];
  }

  lemma {:induction false} Triples(a: Key, b: Key, c: Key, x: Key, y: Key, z: Key)
    ensures Cmp(L([a, b, c]), L([x, y, z])) ==
      if Cmp(a, x) != 0 then Cmp(a, x) else if Cmp(b, y) != 0 then Cmp(b, y) else Cmp(c, z)
  {
    Pairs(b, c, y, z);
    assert [a, b, c][1..] == [b, c] && [x, y, z][1..] == [y, z];
  }

  // ---------------------------------------------------------------- directions

  /** Which positions descend. */
  type Pattern = nat -> bool

  /** Lists compared position by position, from `pos` on, in the direction of each position. */
  function CmpBy(a: seq<Key>, b: seq<Key>, desc: Pattern, pos: nat): (c: int)
    ensures -1 <= c <= 1
    decreases a
  {
    if a == [] || b == [] then Sign(|a| - |b|)
    else
      var x := if desc(pos) then -Cmp(a[0], b[0]) else Cmp(a[0], b[0]);
      if x != 0 then x else CmpBy(a[1..], b[1..], desc, pos + 1)
  }

  /** Swapping the sides mirrors the result, and only equals compare equal. */
  lemma {:induction false} MirrorBy(a: seq<Key>, b: seq<Key>, desc: Pattern, pos: nat)
    ensures CmpBy(b, a, desc, pos) == -CmpBy(a, b, desc, pos) && (CmpBy(a, b, desc, pos) == 0 <==> a == b)
    decreases a
  {
    if a != [] && b != [] {
      Mirror(a[0], b[0]);
      MirrorBy(a[1..], b[1..], desc, pos + 1);
      assert a == [a[0]] + a[1..] && b == [b[0]] + b[1..];
    }
  }

  lemma {:induction false} TransitiveBy(a: seq<Key>, b: seq<Key>, c: seq<Key>, desc: Pattern, pos: nat)
    requires CmpBy(a, b, desc, pos) <= 0 && CmpBy(b, c, desc, pos) <= 0
    ensures CmpBy(a, c, desc, pos) <= 0
    decreases a
  {
    if a != [] && b != [] && c != [] {
      Mirror(a[0], b[0]);
      Mirror(b[0], c[0]);
      Mirror(a[0], c[0]);
      if a[0] == b[0] == c[0] {
        TransitiveBy(a[1..], b[1..], c[1..], desc, pos + 1);
      } else if desc(pos) {
        Transitive(c[0], b[0], a[0]);
      } else {
        Transitive(a[0], b[0], c[0]);
      }
    }
  }

  /** With no position descending this is the lexicographic order. */
  lemma {:induction false} Ascending(a: seq<Key>, b: seq<Key>, desc: Pattern, pos: nat)
    requires forall i :: !desc(i)
    ensures CmpBy(a, b, desc, pos) == CmpList(a, b)
    decreases a
  {
    if a != [] && b != [] {
      Ascending(a[1..], b[1..], desc, pos + 1);
    }
  }
}
