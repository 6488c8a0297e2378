/** The multimap from free space to page id: a sequence sorted by key, equal keys in insertion order. */
module FreeMap {
  datatype Entry = Entry(space: nat, page: nat)

  predicate Sorted(m: seq<Entry>) {
    forall i, j :: 0 <= i < j < |m| ==> m[i].space <= m[j].space
  }

  /** Position of the first entry whose key exceeds `key`. */
  function UpperBound(m: seq<Entry>, key: nat): (n: nat)
    requires Sorted(m)
    ensures n <= |m|
    ensures forall i :: 0 <= i < n ==> m[i].space <= key
    ensures forall i :: n <= i < |m| ==> key < m[i].space
  {
    if m == [] || key < m[0].space then 0 else 1 + UpperBound(m[1..], key)
  }

  function Added(m: seq<Entry>, e: Entry): (r: seq<Entry>)
    requires Sorted(m)
    ensures Sorted(r) && multiset(r) == multiset(m) + multiset{e}
  {
    var n := UpperBound(m, e.space);
    PutIn(m, n, e);
    m[..n] + [e] + m[n..]
  }

  lemma PutIn(m: seq<Entry>, n: nat, e: Entry)
    requires n <= |m|
    ensures multiset(m[..n] + [e] + m[n..]) == multiset(m) + multiset{e}
  {
    assert m == m[..n] + m[n..];
  }

  /** Position of the first entry equal to `e`, or the length. */
  function Position(m: seq<Entry>, e: Entry): (n: nat)
    ensures n <= |m| && (n < |m| ==> m[n] == e)
    ensures forall i :: 0 <= i < n ==> m[i] != e
  {
    if m == [] || m[0] == e then 0 else 1 + Position(m[1..], e)
  }

  lemma TakenOut(m: seq<Entry>, n: nat)
    requires n < |m|
    ensures multiset(m[..n] + m[n + 1..]) == multiset(m) - multiset{m[n]}
  {
    assert m == (m[..n] + [m[n]]) + m[n + 1..];
    assert multiset(m) == multiset(m[..n]) + multiset{m[n]} + multiset(m[n + 1..]);
  }

  /** The page's entry is looked for among those with its key, and taken out. */
  function Erased(m: seq<Entry>, e: Entry): (r: seq<Entry>)
    requires Sorted(m)
    ensures Sorted(r) && multiset(r) == multiset(m) - multiset{e}
  {
    var n := Position(m, e);
    if n == |m| then
      NotThere(m, e);
      m
    else
      TakenOut(m, n);
      m[..n] + m[n + 1..]
  }

  lemma NotThere(m: seq<Entry>, e: Entry)
    requires forall i :: 0 <= i < |m| ==> m[i] != e
    ensures multiset(m) - multiset{e} == multiset(m)
  {
    assert e !in m;
    assert multiset(m)[e] == 0;
  }
}
