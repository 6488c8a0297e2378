/** The orders of names and of dotted names, said of characters, numbers and pieces directly. */
module NameOrder {
  import opened Bytes
  import opened Order
  import opened TypeOrder
  import LexNum

  // ---------------------------------------------------------------- names

  predicate Digit(c: byte) { 48 <= c <= 57 }

  /** No run of digits goes on across position `k`. */
  predicate Boundary(s: seq<byte>, k: nat)
    requires k <= |s|
  {
    0 < k < |s| ==> !(Digit(s[k - 1]) && Digit(s[k]))
  }

  /** Digits come after all other characters but 255, which comes last; the others compare as signed chars. */
  predicate CharBefore(c: byte, d: byte) {
    if c == 255 then false
    else if d == 255 then true
    else if Digit(c) != Digit(d) then Digit(d)
    else if (c < 128) != (d < 128) then d < 128
    else c < d
  }

  lemma {:induction false} KeysJoin(p: seq<byte>, x: seq<byte>)
    requires Boundary(p + x, |p|)
    ensures LexNum.Keys(p + x) == LexNum.Keys(p) + LexNum.Keys(x)
  {
    var s := p + x;
    if p == [] {
      assert s == x;
    } else {
      var n := LexNum.Width(p);
      assert n == LexNum.Width(s) && LexNum.FirstKey(s) == LexNum.FirstKey(p) by {
        HeadsAgree(p, x);
      }
      assert s[n..] == p[n..] + x;
      KeysJoin(p[n..], x);
    }
  }

  lemma {:induction false} HeadsAgree(p: seq<byte>, x: seq<byte>)
    requires Boundary(p + x, |p|) && p != []
    ensures LexNum.Width(p + x) == LexNum.Width(p) && LexNum.FirstKey(p + x) == LexNum.FirstKey(p)
  {
    var s := p + x;
    if Digit(p[0]) {
      var n := LexNum.DigitRun(p);
      assert s[..n] == p[..n];
      forall i | 0 <= i < n
        ensures LexNum.IsNumber(s[i])
      {
        assert s[i] == p[i];
      }
      assert n < |s| ==> !LexNum.IsNumber(s[n]) by {
        assert p[n - 1] == s[n - 1];
      }
      LexNum.RunIs(s, n);
    }
  }

  lemma {:induction false} SameHead(a: seq<Key>, b: seq<Key>, c: seq<Key>)
    ensures CmpList(a + b, a + c) == CmpList(b, c)
    decreases |a|
  {
    if a == [] {
      assert a + b == b && a + c == c;
    } else {
      Mirror(a[0], a[0]);
      assert (a + b)[1..] == a[1..] + b && (a + c)[1..] == a[1..] + c;
      SameHead(a[1..], b, c);
    }
  }

  /** Parts that compare equal and end outside a run of digits do not matter. */
  lemma {:induction false} EqualParts(p: seq<byte>, x: seq<byte>, q: seq<byte>, y: seq<byte>)
    requires Boundary(p + x, |p|) && Boundary(q + y, |q|) && LexNum.LexCmp(p, q) == 0
    ensures LexNum.LexCmp(p + x, q + y) == LexNum.LexCmp(x, y)
  {
    KeysJoin(p, x);
    KeysJoin(q, y);
    MirrorList(LexNum.Keys(p), LexNum.Keys(q));
    SameHead(LexNum.Keys(p), LexNum.Keys(x), LexNum.Keys(y));
  }

  /** What the first characters decide. */
  lemma {:induction false} FirstDecides(x: seq<byte>, y: seq<byte>)
    ensures x == [] || y == [] ==> LexNum.LexCmp(x, y) == if x != [] then 1 else if y != [] then -1 else 0
    ensures x != [] && y != [] && x[0] != y[0] && !(Digit(x[0]) && Digit(y[0])) ==>
      LexNum.LexCmp(x, y) == if CharBefore(x[0], y[0]) then -1 else 1
    ensures x != [] && y != [] && x[0] == y[0] && !Digit(x[0]) ==> LexNum.LexCmp(x, y) == LexNum.LexCmp(x[1..], y[1..])
  {
    if x == [] || y == [] {
      LexNum.EndDecides(x, y);
    } else if !(Digit(x[0]) && Digit(y[0])) {
      LexNum.CharsAt(x, y);
      LexNum.CharCmpIs(x, y);
    }
  }

  /** Runs of digits compare as the numbers they write, however long; after equal numbers the rest decides. */
  lemma {:induction false} NumbersDecide(a: seq<byte>, x: seq<byte>, b: seq<byte>, y: seq<byte>)
    requires a != [] && b != [] && LexNum.Digits(a) && LexNum.Digits(b)
    requires (x != [] ==> !Digit(x[0])) && (y != [] ==> !Digit(y[0]))
    ensures LexNum.LexCmp(a + x, b + y) ==
      if LexNum.Value(a) != LexNum.Value(b) then Sign(LexNum.Value(a) - LexNum.Value(b)) else LexNum.LexCmp(x, y)
  {
    NumberHead(a, x);
    NumberHead(b, y);
    LexNum.HeadDecides(LexNum.Token(1, LexNum.Value(a)), LexNum.Keys(x), LexNum.Token(1, LexNum.Value(b)), LexNum.Keys(y));
    LexNum.TokenCmp(1, LexNum.Value(a), 1, LexNum.Value(b));
  }

  lemma {:induction false} NumberHead(a: seq<byte>, x: seq<byte>)
    requires a != [] && LexNum.Digits(a) && (x != [] ==> !Digit(x[0]))
    ensures LexNum.Keys(a + x) == [LexNum.Token(1, LexNum.Value(a))] + LexNum.Keys(x)
  {
    var s := a + x;
    assert s[..|a|] == a && s[|a|..] == x && a[0..] == a;
    LexNum.NumberFirst(s, |a|, 0);
  }

  /** Of names that agree up to `k`, where no run of digits goes on, what comes at `k` decides. */
  lemma {:induction false} FirstDifferenceDecides(s: seq<byte>, t: seq<byte>, k: nat)
    requires k <= |s| && k <= |t| && s[..k] == t[..k] && Boundary(s, k) && Boundary(t, k)
    ensures k == |s| || k == |t| ==> LexNum.LexCmp(s, t) == Sign(|s| - |t|)
    ensures k < |s| && k < |t| && s[k] != t[k] && !(Digit(s[k]) && Digit(t[k])) ==>
      LexNum.LexCmp(s, t) == if CharBefore(s[k], t[k]) then -1 else 1
    ensures k < |s| && k < |t| ==> LexNum.LexCmp(s, t) == LexNum.LexCmp(s[k..], t[k..])
  {
    assert s == s[..k] + s[k..] && t == t[..k] + t[k..];
    MirrorList(LexNum.Keys(s[..k]), LexNum.Keys(t[..k]));
    EqualParts(s[..k], s[k..], t[..k], t[k..]);
    FirstDecides(s[k..], t[k..]);
  }

  /** ASCII names without digits compare byte by byte. */
  lemma {:induction false} PlainNames(s: seq<byte>, t: seq<byte>)
    requires forall i :: 0 <= i < |s| ==> s[i] < 128 && !Digit(s[i])
    requires forall i :: 0 <= i < |t| ==> t[i] < 128 && !Digit(t[i])
    ensures LexNum.LexCmp(s, t) == if s == t then 0 else if Before(s, t) then -1 else 1
  {
    if s == t {
      MirrorList(LexNum.Keys(s), LexNum.Keys(t));
    } else {
      var k := FirstDifference(s, t);
      BytesBefore(s, t);
      assert s[..k] == t[..k];
      FirstDifferenceDecides(s, t, k);
    }
  }

  // ---------------------------------------------------------------- dotted names

  /** The pieces between the dots (46), joined by them. */
  function Join(ps: seq<seq<byte>>): seq<byte> {
    if ps == [] then [] else if |ps| == 1 then ps[0] else ps[0] + [46] + Join(ps[1..])
  }

  /** `ps` are the pieces of the name: none has a dot, and joined they give it, up to a final dot. */
  predicate ArePieces(ps: seq<seq<byte>>, s: seq<byte>) {
    && (forall i :: 0 <= i < |ps| ==> 46 !in ps[i])
    && (ps == [] <==> s == [])
    && s == if s != [] && s[|s| - 1] == 46 then Join(ps) + [46] else Join(ps)
  }

  lemma {:induction false} CStrShows(s: seq<byte>)
    ensures LexNum.CStr(s) == Shown(s)
  {
    var n, t := LexNum.Index(s, 0, 0), Shown(s);
    assert t == s[..|t|];
  }

  /** Where the first of the pieces ends, and what follows it. */
  lemma {:induction false} FirstPiece(ps: seq<seq<byte>>, s: seq<byte>)
    requires ArePieces(ps, s) && ps != []
    ensures ps[0] <= s && (|ps[0]| < |s| ==> s[|ps[0]|] == 46)
    ensures |ps| == 1 ==> |s| <= |ps[0]| + 1
    ensures |ps| > 1 ==> |ps[0]| < |s| && ArePieces(ps[1..], s[|ps[0]| + 1..])
  {
    var n := |ps[0]|;
    if |ps| > 1 {
      var rest := s[n + 1..];
      assert Join(ps) == ps[0] + [46] + Join(ps[1..]);
      assert s == ps[0] + [46] + rest;
      assert rest != [] ==> rest[|rest| - 1] == s[|s| - 1];
    }
  }

  lemma {:induction false} SegmentsArePieces(s: seq<byte>, from: nat, ps: seq<seq<byte>>)
    requires from <= |s| && ArePieces(ps, s[from..])
    ensures AreKeys(LexNum.Segments(s, from), ps)
    decreases |ps|
  {
    if ps == [] {
      assert from == |s|;
    } else {
      FirstPiece(ps, s[from..]);
      PieceEnds(s, from, ps[0]);
      var next := from + |ps[0]| + 1;
      SegmentsFrom(s, from, next - 1, ps[0]);
      if |ps| > 1 {
        assert s[from..][|ps[0]| + 1..] == s[next..];
        SegmentsArePieces(s, next, ps[1..]);
      } else {
        NoSegments(s, next);
      }
      ConsAll(LexNum.Keys(Shown(ps[0])), LexNum.Segments(s, next), ps);
    }
  }

  ghost predicate AreKeys(ks: seq<seq<Key>>, ps: seq<seq<byte>>) {
    |ks| == |ps| && forall i :: 0 <= i < |ps| ==> ks[i] == LexNum.Keys(Shown(ps[i]))
  }

  lemma NoSegments(s: seq<byte>, from: nat)
    requires |s| <= from
    ensures LexNum.Segments(s, from) == []
  {
  }

  lemma {:induction false} ConsAll(k: seq<Key>, ks: seq<seq<Key>>, ps: seq<seq<byte>>)
    requires ps != [] && k == LexNum.Keys(Shown(ps[0])) && AreKeys(ks, ps[1..])
    ensures AreKeys([k] + ks, ps)
  {
    assert forall i :: 0 < i < |ps| ==> ps[1..][i - 1] == ps[i];
  }

  lemma {:induction false} SegmentsFrom(s: seq<byte>, from: nat, end: nat, p: seq<byte>)
    requires from < |s| && from <= end <= |s| && LexNum.Index(s, DOT, from) == end && s[from..end] == p
    ensures LexNum.Segments(s, from) == [LexNum.Keys(Shown(p))] + LexNum.Segments(s, end + 1)
  {
    CStrShows(p);
  }

  lemma {:induction false} PieceEnds(s: seq<byte>, from: nat, p: seq<byte>)
    requires from < |s| && p <= s[from..] && 46 !in p && (|p| < |s| - from ==> s[from + |p|] == 46)
    ensures LexNum.Index(s, DOT, from) == from + |p| && s[from..from + |p|] == p
  {
    var n := LexNum.Index(s, DOT, from);
    assert s[from..from + |p|] == p;
    assert forall i :: 0 <= i < |p| ==> p[i] == s[from + i];
  }

  /**
   For names with the pieces `ps` and `qs`, equal up to `k` as lexNumCmp compares what they show: a piece
   that differs decides which name comes before, and one that only one name has makes that a subfield;
   after 2^20 equal pieces the code asserts.
   */
  lemma {:induction false} PieceDecides(l: seq<byte>, ps: seq<seq<byte>>, r: seq<byte>, qs: seq<seq<byte>>, k: nat)
    requires ArePieces(ps, l) && ArePieces(qs, r) && k <= |ps| && k <= |qs|
    requires forall i: nat :: i < k ==> LexNum.LexCmp(Shown(ps[i]), Shown(qs[i])) == 0
    ensures k >= 1048576 ==> LexNum.Compare(l, r) == None
    ensures k < 1048576 && k == |ps| == |qs| ==> LexNum.Compare(l, r) == Some(LexNum.Same)
    ensures k < 1048576 && k == |ps| < |qs| ==> LexNum.Compare(l, r) == Some(LexNum.RightSubfield)
    ensures k < 1048576 && k == |qs| < |ps| ==> LexNum.Compare(l, r) == Some(LexNum.LeftSubfield)
    ensures k < 1048576 && k < |ps| && k < |qs| && LexNum.LexCmp(Shown(ps[k]), Shown(qs[k])) < 0
      ==> LexNum.Compare(l, r) == Some(LexNum.LeftBefore)
    ensures k < 1048576 && k < |ps| && k < |qs| && LexNum.LexCmp(Shown(ps[k]), Shown(qs[k])) > 0
      ==> LexNum.Compare(l, r) == Some(LexNum.RightBefore)
  {
    assert l[0..] == l && r[0..] == r;
    SegmentsArePieces(l, 0, ps);
    SegmentsArePieces(r, 0, qs);
    ListsDecide(LexNum.Segments(l, 0), LexNum.Segments(r, 0), k, LexNum.MAX_LOOPS);
  }

  lemma {:induction false} ListsDecide(x: seq<seq<Key>>, y: seq<seq<Key>>, k: nat, loops: nat)
    requires k <= |x| && k <= |y| && forall i: nat :: i < k ==> CmpList(x[i], y[i]) == 0
    ensures LexNum.CompareFields(x, y, loops) ==
      if loops <= k then None
      else if k == |x| then Some(if k == |y| then LexNum.Same else LexNum.RightSubfield)
      else if k == |y| then Some(LexNum.LeftSubfield)
      else if CmpList(x[k], y[k]) < 0 then Some(LexNum.LeftBefore)
      else if CmpList(x[k], y[k]) > 0 then Some(LexNum.RightBefore)
      else LexNum.CompareFields(x[k + 1..], y[k + 1..], loops - k - 1)
    decreases k
  {
    if k > 0 && loops > 0 {
      assert CmpList(x[0], y[0]) == 0;
      ListsDecide(x[1..], y[1..], k - 1, loops - 1);
      assert k < |x| ==> x[1..][k..] == x[k + 1..];
      assert k < |y| ==> y[1..][k..] == y[k + 1..];
    }
  }

  /** Every name has its pieces. */
  lemma {:induction false} HasPieces(s: seq<byte>) returns (ps: seq<seq<byte>>)
    ensures ArePieces(ps, s)
    decreases |s|
  {
    ps := [];
    if s != [] {
      var n := LexNum.Index(s, 46, 0);
      if n + 1 < |s| {
        var qs := HasPieces(s[n + 1..]);
        MorePieces(s, n, qs);
        ps := [s[..n]] + qs;
      } else {
        assert n < |s| ==> s == s[..n] + [46];
        ps := [s[..n]];
      }
    }
  }

  lemma {:induction false} MorePieces(s: seq<byte>, n: nat, qs: seq<seq<byte>>)
    requires n + 1 < |s| && s[n] == 46 && 46 !in s[..n] && ArePieces(qs, s[n + 1..])
    ensures ArePieces([s[..n]] + qs, s)
  {
    var ps, rest := [s[..n]] + qs, s[n + 1..];
    assert ps[1..] == qs && rest[|rest| - 1] == s[|s| - 1];
    assert s == s[..n] + [46] + rest;
    assert Join(ps) == s[..n] + [46] + Join(qs);
  }
}
